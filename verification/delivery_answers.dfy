/** What the gateway's answers make of a batch: one it has answered is not sent again, and only one it has
    not answered is kept. */
module DeliveryAnswers {
  import opened Text
  import opened SpoolNames
  import opened Spool
  import opened Delivery

  // ---- what holds over every run, failures and losses included ----

  predicate FileOk(s: State, n: string)
    requires n in s.dir
  {
    s.dir[n].task in s.execs && s.dir[n].seqNo < s.execs[s.dir[n].task].next
  }

  /** Files are of batches that their executions are past, each at most once. */
  predicate FilesOk(s: State) { (forall n :: n in s.dir ==> FileOk(s, n)) && Unique(s.dir) }

  /** The execution is past the batch, and it is not on disk. */
  predicate Over(s: State, task: string, k: nat) {
    task in s.execs && k < s.execs[task].next && !OnDisk(s.dir, task, k)
  }

  predicate Was(x: Sent, task: string, k: nat) { x.task == task && x.seqNo == k }

  predicate DeclinedAreOver(s: State) {
    forall i :: 0 <= i < |s.sent| && s.sent[i].verdict.Declined? ==> Over(s, s.sent[i].task, s.sent[i].seqNo)
  }

  /** What the gateway declined was not sent afterwards. */
  predicate NeverAfterDeclined(sent: seq<Sent>) {
    forall i, j :: 0 <= i < j < |sent| && Was(sent[j], sent[i].task, sent[i].seqNo) ==> !sent[i].verdict.Declined?
  }

  /** Files are some of those before, and the one written. */
  predicate AddsOne(dir: Directory, before: Directory, b: Entry, file: string) {
    && file in dir && dir[file] == b
    && forall n :: n in dir && n != file ==> n in before && dir[n] == before[n]
  }

  lemma SpooledAddsOne(s: State, task: string, now: nat) returns (file: string)
    requires task in s.execs && s.execs[task].next < Pow10(6) && now < Pow10(20)
    ensures AddsOne(Spooled(s, task, now).dir, s.dir, Entry(now, task, s.execs[task].next), file)
  {
    TrimmedPart(s.dir);
    var b := Entry(now, task, s.execs[task].next);
    file := b.FileName();
    assert Spooled(s, task, now).dir == Trimmed(s.dir)[file := b];
  }

  lemma AddedFiles(s: State, s': State, b: Entry, file: string)
    requires FilesOk(s) && AddsOne(s'.dir, s.dir, b, file) && b.task in s.execs && b.seqNo == s.execs[b.task].next
    requires forall u :: u in s.execs ==> u in s'.execs && s.execs[u].next <= s'.execs[u].next
    requires s'.execs[b.task].next == b.seqNo + 1
    ensures FilesOk(s')
  {
    forall n | n in s'.dir ensures FileOk(s', n) { if n != file { assert FileOk(s, n); } }
    forall m, n | m in s'.dir && n in s'.dir && s'.dir[m].task == s'.dir[n].task && s'.dir[m].seqNo == s'.dir[n].seqNo
      ensures m == n
    {
      if m != file { assert FileOk(s, m); }
      if n != file { assert FileOk(s, n); }
    }
  }

  lemma SpooledFiles(s: State, task: string, now: nat)
    requires FilesOk(s) && task in s.execs && s.execs[task].next < Pow10(6) && now < Pow10(20)
    ensures FilesOk(Spooled(s, task, now))
  {
    var file := SpooledAddsOne(s, task, now);
    AddedFiles(s, Spooled(s, task, now), Entry(now, task, s.execs[task].next), file);
  }

  lemma TrimmedFiles(s: State, s': State)
    requires FilesOk(s) && s'.dir.Keys <= s.dir.Keys && forall n :: n in s'.dir ==> s'.dir[n] == s.dir[n]
    requires forall u :: u in s.execs ==> u in s'.execs && s.execs[u].next <= s'.execs[u].next
    ensures FilesOk(s')
  {
    forall n | n in s'.dir ensures FileOk(s', n) { assert FileOk(s, n); }
  }

  /** A step that does not write a batch leaves some of the files, as they were. */
  lemma OtherStepFiles(s: State, st: Step)
    requires Enabled(s, st) && !((st.Queue? || st.Store?) && st.ok)
    ensures Apply(s, st).dir.Keys <= s.dir.Keys
    ensures forall n :: n in Apply(s, st).dir ==> Apply(s, st).dir[n] == s.dir[n]
  {
    TrimmedPart(s.dir);
  }

  lemma StepKeepsFiles(s: State, st: Step)
    requires FilesOk(s) && Enabled(s, st)
    ensures FilesOk(Apply(s, st))
  {
    if (st.Queue? || st.Store?) && st.ok {
      SpooledFiles(s, st.task, st.now);
    } else {
      OtherStepFiles(s, st);
      forall u | u in s.execs ensures u in Apply(s, st).execs && s.execs[u].next <= Apply(s, st).execs[u].next {
        NextGrows(s, st, u);
      }
      TrimmedFiles(s, Apply(s, st));
    }
  }

  /** A batch is on disk after a step only if it was before, or is the one its execution now spools. */
  lemma OnDiskFrom(s: State, st: Step, task: string, k: nat)
    requires Enabled(s, st) && OnDisk(Apply(s, st).dir, task, k)
    ensures OnDisk(s.dir, task, k)
            || ((st.Queue? || st.Store?) && st.ok && st.task == task && s.execs[task].next == k)
  {
    if (st.Queue? || st.Store?) && st.ok {
      var file := SpooledAddsOne(s, st.task, st.now);
      AddedOnDisk(Apply(s, st).dir, s.dir, Entry(st.now, st.task, s.execs[st.task].next), file, task, k);
    } else {
      OtherStepFiles(s, st);
      PartOnDisk(Apply(s, st).dir, s.dir, task, k);
    }
  }

  lemma AddedOnDisk(dir: Directory, before: Directory, b: Entry, file: string, task: string, k: nat)
    requires AddsOne(dir, before, b, file) && OnDisk(dir, task, k)
    ensures OnDisk(before, task, k) || (b.task == task && b.seqNo == k)
  {
    var n :| n in dir && dir[n].task == task && dir[n].seqNo == k;
    if n != file { assert n in before && before[n] == dir[n]; }
  }

  lemma PartOnDisk(dir: Directory, before: Directory, task: string, k: nat)
    requires OnDisk(dir, task, k) && forall n :: n in dir ==> n in before && dir[n] == before[n]
    ensures OnDisk(before, task, k)
  {
    var n :| n in dir && dir[n].task == task && dir[n].seqNo == k;
    assert n in before && before[n] == dir[n];
  }

  /** A batch that is over stays over. */
  lemma OverStays(s: State, st: Step, task: string, k: nat)
    requires FilesOk(s) && Enabled(s, st) && Over(s, task, k)
    ensures Over(Apply(s, st), task, k)
  {
    NextGrows(s, st, task);
    if OnDisk(Apply(s, st).dir, task, k) { OnDiskFrom(s, st, task, k); }
  }

  /** Only batches that are not over are sent. */
  lemma SendsOnlyOpen(s: State, st: Step)
    requires Enabled(s, st)
    ensures Apply(s, st).sent == s.sent
            || (|Apply(s, st).sent| == |s.sent| + 1 && Apply(s, st).sent[..|s.sent|] == s.sent
                && !Over(s, Apply(s, st).sent[|s.sent|].task, Apply(s, st).sent[|s.sent|].seqNo))
  {
    if st.ReplayPost? { assert OnDisk(s.dir, s.dir[s.replayer.rest[0]].task, s.dir[s.replayer.rest[0]].seqNo); }
  }

  /** A batch that was answered is over: a direct post moves on, and a replay deletes the file. */
  lemma AnsweredIsOver(s: State, st: Step)
    requires FilesOk(s) && Enabled(s, st) && (st.Post? || st.ReplayPost?) && !st.outcome.Unreachable?
    ensures
      var x := Apply(s, st).sent[|s.sent|];
      Over(Apply(s, st), x.task, x.seqNo)
  {
    if st.Post? {
      assert forall n :: n in s.dir ==> FileOk(s, n);
    } else {
      assert FileOk(s, s.replayer.rest[0]);
    }
  }

  /** One that was not answered stays: it is about to be spooled, or its file stays. */
  lemma UnansweredStays(s: State, st: Step)
    requires Enabled(s, st) && (st.Post? || st.ReplayPost?) && st.outcome.Unreachable?
    ensures
      var s', x := Apply(s, st), Apply(s, st).sent[|s.sent|];
      && s'.dir == s.dir
      && (st.Post? ==> AtPc(s', x.task, Storing) && s'.execs[x.task].next == x.seqNo)
      && (st.ReplayPost? ==> OnDisk(s'.dir, x.task, x.seqNo) && s'.replayer.Idle?)
  {
    if st.ReplayPost? { assert OnDisk(s.dir, s.dir[s.replayer.rest[0]].task, s.dir[s.replayer.rest[0]].seqNo); }
  }

  /** A post may be answered either way, or get no answer, and then the batch may have landed all the same. */
  lemma AnyAnswer(s: State, task: string, outcome: Outcome, verdict: Verdict)
    requires AtPc(s, task, Sending)
    ensures Enabled(s, Post(task, outcome, verdict)) <==>
            || (outcome == Delivered && verdict == Accepted) || (outcome == Refused && verdict == Declined)
            || (outcome == Unreachable && verdict != Declined)
  {
  }

  /** After a direct post the batch is spooled exactly when the gateway could not be reached; otherwise the
      execution goes on to its next batch. */
  lemma PostSpoolsExactly(s: State, st: Step)
    requires Enabled(s, st) && st.Post?
    ensures
      var e, e' := s.execs[st.task], Apply(s, st).execs[st.task];
      && (AtPc(Apply(s, st), st.task, Storing) <==> st.outcome.Unreachable?)
      && e'.next == (if st.outcome.Unreachable? then e.next else e.next + 1)
      && (!st.outcome.Unreachable? ==> (e'.pc == Finished <==> e.next + 1 >= e.total) && (e'.pc == Checking <==> e.next + 1 < e.total))
  {
  }

  /** A batch goes to the spool without being tried exactly when an earlier one of its task is there. */
  lemma CheckQueuesExactly(s: State, task: string)
    requires EntriesOk(s) && IsUuid(task) && Enabled(s, Check(task))
    ensures AtPc(Apply(s, Check(task)), task, Queueing) <==> exists n :: n in s.dir && s.dir[n].task == task
    ensures AtPc(Apply(s, Check(task)), task, Sending) <==> !exists n :: n in s.dir && s.dir[n].task == task
  {
    PendingMeansOnDisk(s, task);
  }

  predicate Writes(st: Step) { st.Queue? || st.Store? }

  /** A write, whether it succeeds or not, first makes room where the spool is full: the oldest files go until one
      more fits. Only one that succeeds adds its batch. */
  lemma WriteDoes(s: State, st: Step, dir: Directory, max: nat)
    requires Enabled(s, st) && Writes(st) && dir == Apply(s, st).dir && max == MAX_SPOOL_FILES
    ensures !st.ok ==>
      && (|s.dir| < max ==> dir == s.dir) && (|s.dir| >= max ==> |dir| == max - 1)
      && (forall x, y :: x in s.dir && x !in dir && y in dir ==> LexLess(x, y))
      && forall n :: n in dir ==> n in s.dir && dir[n] == s.dir[n]
    ensures st.ok ==> |dir| <= max || |dir| <= |s.dir|
    ensures st.ok ==> OnDisk(dir, st.task, s.execs[st.task].next)
  {
    var rest := Trimmed(s.dir);
    TrimmedKeepsNewest(s.dir, rest, max);
    if st.ok {
      var b := Entry(st.now, st.task, s.execs[st.task].next);
      assert dir == rest[b.FileName() := b];
      OneMoreFile(rest, b.FileName(), b);
      assert dir[b.FileName()] == b;
    }
  }

  lemma OneMoreFile(dir: Directory, n: string, b: Entry)
    ensures |dir[n := b]| <= |dir| + 1
  {
    assert dir[n := b].Keys == dir.Keys + {n};
    assert |dir[n := b].Keys| == |dir[n := b]| && |dir.Keys| == |dir|;
  }

  lemma FewerFiles(dir: Directory, rest: Directory)
    requires rest.Keys <= dir.Keys
    ensures |rest| <= |dir|
  {
    assert dir.Keys == rest.Keys + (dir.Keys - rest.Keys);
    assert |rest.Keys| == |rest| && |dir.Keys| == |dir|;
  }

  /** The spool never holds more files than its cap. */
  lemma {:induction false} SpoolStaysBounded(s: State, steps: seq<Step>, max: nat)
    requires Runs(s, steps) && |s.dir| <= max && max == MAX_SPOOL_FILES
    ensures |After(s, steps).dir| <= max
    decreases |steps|
  {
    if steps != [] {
      var st, s' := steps[0], Apply(s, steps[0]);
      if Writes(st) { WriteDoes(s, st, s'.dir, max); } else { FewerFiles(s.dir, s'.dir); }
      SpoolStaysBounded(s', steps[1..], max);
    }
  }

  lemma StepKeepsDeclined(s: State, st: Step)
    requires FilesOk(s) && DeclinedAreOver(s) && NeverAfterDeclined(s.sent) && Enabled(s, st)
    ensures DeclinedAreOver(Apply(s, st)) && NeverAfterDeclined(Apply(s, st).sent)
  {
    var s' := Apply(s, st);
    SendsOnlyOpen(s, st);
    forall i | 0 <= i < |s'.sent| && s'.sent[i].verdict.Declined? ensures Over(s', s'.sent[i].task, s'.sent[i].seqNo) {
      if i < |s.sent| {
        assert s'.sent[i] == s'.sent[..|s.sent|][i];
        OverStays(s, st, s.sent[i].task, s.sent[i].seqNo);
      } else {
        AnsweredIsOver(s, st);
      }
    }
    forall i, j | 0 <= i < j < |s'.sent| && Was(s'.sent[j], s'.sent[i].task, s'.sent[i].seqNo)
      ensures !s'.sent[i].verdict.Declined?
    {
      assert s'.sent[i] == s'.sent[..|s.sent|][i];
      if j < |s.sent| { assert s'.sent[j] == s'.sent[..|s.sent|][j]; }
    }
  }

  lemma {:induction false} DeclinedAlways(s: State, steps: seq<Step>)
    requires Runs(s, steps) && FilesOk(s) && DeclinedAreOver(s) && NeverAfterDeclined(s.sent)
    ensures
      var s' := After(s, steps);
      FilesOk(s') && DeclinedAreOver(s') && NeverAfterDeclined(s'.sent)
    decreases |steps|
  {
    if steps != [] {
      StepKeepsFiles(s, steps[0]);
      StepKeepsDeclined(s, steps[0]);
      DeclinedAlways(Apply(s, steps[0]), steps[1..]);
    }
  }

  /** Over every run, whatever fails and whatever is lost: a batch the gateway declined is never sent again and
      is not on disk. */
  lemma DeclinedIsFinal(steps: seq<Step>, i: nat)
    requires Runs(INITIAL, steps)
    requires i < |After(INITIAL, steps).sent| && After(INITIAL, steps).sent[i].verdict.Declined?
    ensures
      var s := After(INITIAL, steps);
      && !OnDisk(s.dir, s.sent[i].task, s.sent[i].seqNo)
      && forall j :: i < j < |s.sent| ==> !Was(s.sent[j], s.sent[i].task, s.sent[i].seqNo)
  {
    DeclinedAlways(INITIAL, steps);
  }

  // ---- an answered batch, and runs in which the gateway is always there ----

  lemma {:induction false} OverForGood(s: State, steps: seq<Step>, task: string, k: nat)
    requires Runs(s, steps) && FilesOk(s) && Over(s, task, k)
    ensures Over(After(s, steps), task, k) && |s.sent| <= |After(s, steps).sent|
    ensures forall j :: |s.sent| <= j < |After(s, steps).sent| ==> !Was(After(s, steps).sent[j], task, k)
    decreases |steps|
  {
    if steps != [] {
      var s' := Apply(s, steps[0]);
      StepKeepsFiles(s, steps[0]);
      OverStays(s, steps[0], task, k);
      SendsOnlyOpen(s, steps[0]);
      OverForGood(s', steps[1..], task, k);
      SentGrows(s', steps[1..]);
    }
  }

  /** A batch that any answer came back for, to a post or to a replay, is never sent again. */
  lemma AnsweredIsFinal(s: State, st: Step, steps: seq<Step>, j: nat)
    requires FilesOk(s) && Enabled(s, st) && (st.Post? || st.ReplayPost?) && !st.outcome.Unreachable?
    requires Runs(Apply(s, st), steps) && |s.sent| < j < |After(Apply(s, st), steps).sent|
    ensures
      var x := Apply(s, st).sent[|s.sent|];
      !Was(After(Apply(s, st), steps).sent[j], x.task, x.seqNo)
  {
    var s', x := Apply(s, st), Apply(s, st).sent[|s.sent|];
    StepKeepsFiles(s, st);
    AnsweredIsOver(s, st);
    OverForGood(s', steps, x.task, x.seqNo);
  }

  predicate AlwaysReached(steps: seq<Step>) {
    forall i :: 0 <= i < |steps| && (steps[i].Post? || steps[i].ReplayPost?) ==> !steps[i].outcome.Unreachable?
  }

  predicate Nothing(s: State) {
    s.dir == map[] && forall u :: u in s.execs ==> !s.execs[u].pc.Queueing? && !s.execs[u].pc.Storing?
  }

  lemma ReachedKeepsNothing(s: State, st: Step)
    requires Nothing(s) && Enabled(s, st) && (st.Post? ==> !st.outcome.Unreachable?)
    ensures Nothing(Apply(s, st))
  {
  }

  /** The batch numbers sent of a task, in order. */
  function NumbersOf(sent: seq<Sent>, task: string): seq<nat> {
    if sent == [] then []
    else
      var x := sent[|sent| - 1];
      NumbersOf(sent[..|sent| - 1], task) + if x.task == task then [x.seqNo] else []
  }

  function Upto(n: nat): seq<nat> { seq(n, i => i) }

  ghost predicate EachOnce(s: State) {
    forall u :: NumbersOf(s.sent, u) == if u in s.execs then Upto(s.execs[u].next) else []
  }

  lemma ReachedKeepsEachOnce(s: State, st: Step)
    requires Nothing(s) && EachOnce(s) && Enabled(s, st) && (st.Post? ==> !st.outcome.Unreachable?)
    ensures EachOnce(Apply(s, st))
  {
    var s' := Apply(s, st);
    if st.Post? {
      var x := Sent(st.task, s.execs[st.task].next, st.verdict);
      assert s'.sent == s.sent + [x] && s'.sent[..|s.sent|] == s.sent;
      assert Upto(x.seqNo + 1) == Upto(x.seqNo) + [x.seqNo];
    }
    forall u ensures NumbersOf(s'.sent, u) == if u in s'.execs then Upto(s'.execs[u].next) else [] {
      assert NumbersOf(s.sent, u) == if u in s.execs then Upto(s.execs[u].next) else [];
    }
  }

  /** While the gateway can be reached, nothing is ever spooled, and every batch is sent once, in its turn. */
  lemma {:induction false} NothingSpooledWhileReached(s: State, steps: seq<Step>)
    requires Runs(s, steps) && Nothing(s) && EachOnce(s) && AlwaysReached(steps)
    ensures Nothing(After(s, steps)) && EachOnce(After(s, steps))
    decreases |steps|
  {
    if steps != [] {
      ReachedKeepsNothing(s, steps[0]);
      ReachedKeepsEachOnce(s, steps[0]);
      assert AlwaysReached(steps[1..]);
      NothingSpooledWhileReached(Apply(s, steps[0]), steps[1..]);
    }
  }
}
