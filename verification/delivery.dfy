/** A worker delivering the batches of the tasks it runs, directly or through the spool.
    Checking the spool, posting and spooling are separate steps, interleaved with replays. */
module Delivery {
  import opened Text
  import opened SpoolNames
  import opened Spool

  datatype Pc = Checking | Queueing | Sending | Storing | Finished

  /** One execution: batches 0 .. total - 1, the last one closing the task. */
  datatype Exec = Exec(total: nat, next: nat, pc: Pc)
  {
    function Advanced(): Exec {
      Exec(total, next + 1, if next + 1 < total then Checking else Finished)
    }
  }

  /** What the gateway made of a batch; `Unheard` if it never processed it. */
  datatype Verdict = Accepted | Declined | Unheard

  datatype Sent = Sent(task: string, seqNo: nat, verdict: Verdict)

  datatype Replayer = Idle | Replaying(rest: seq<string>)

  datatype State = State(
    clock: nat,
    dir: Directory,
    execs: map<string, Exec>,
    replayer: Replayer,
    sent: seq<Sent>)

  datatype Step =
    | Start(task: string, total: nat)
    | Check(task: string)
    | Queue(task: string, now: nat, ok: bool)
    | Post(task: string, outcome: Outcome, verdict: Verdict)
    | Store(task: string, now: nat, ok: bool)
    | ReplayStart
    | ReplayPost(outcome: Outcome, verdict: Verdict)
    | ReplayDrop
    | ReplayStop

  const INITIAL := State(0, map[], map[], Idle, [])

  /** A 2xx answer means accepted and a 4xx declined; without an answer the batch may have landed. */
  predicate Consistent(outcome: Outcome, verdict: Verdict) {
    match outcome
    case Delivered => verdict.Accepted?
    case Refused => verdict.Declined?
    case Unreachable => verdict.Accepted? || verdict.Unheard?
  }

  predicate AtPc(s: State, task: string, pc: Pc) {
    task in s.execs && s.execs[task].pc == pc
  }

  /** Spooling waits for the mutex a replay holds. */
  predicate CanSpool(s: State, now: nat) {
    s.replayer.Idle? && s.clock <= now < Pow10(20)
  }

  ghost predicate Enabled(s: State, st: Step) {
    match st
    case Start(task, total) =>
      && IsUuid(task) && 1 <= total <= Pow10(6) && task !in s.execs
      && forall n :: n in s.dir ==> s.dir[n].task != task
    case Check(task) => AtPc(s, task, Checking)
    case Queue(task, now, ok) => AtPc(s, task, Queueing) && CanSpool(s, now) && s.execs[task].next < Pow10(6)
    case Post(task, outcome, verdict) => AtPc(s, task, Sending) && Consistent(outcome, verdict)
    case Store(task, now, ok) => AtPc(s, task, Storing) && CanSpool(s, now) && s.execs[task].next < Pow10(6)
    case ReplayStart => s.replayer.Idle?
    case ReplayPost(outcome, verdict) =>
      && s.replayer.Replaying? && s.replayer.rest != [] && s.replayer.rest[0] in s.dir
      && Consistent(outcome, verdict)
    case ReplayDrop => s.replayer.Replaying? && s.replayer.rest != []
    case ReplayStop => s.replayer.Replaying?
  }

  function WithExec(s: State, task: string, e: Exec): State {
    s.(execs := s.execs[task := e])
  }

  ghost function Spooled(s: State, task: string, now: nat): State
    requires task in s.execs && s.execs[task].next < Pow10(6) && now < Pow10(20)
  {
    var e := s.execs[task];
    WithExec(s, task, e.Advanced()).(clock := now, dir := Stored(s.dir, Entry(now, task, e.next)))
  }

  ghost function Apply(s: State, st: Step): State
    requires Enabled(s, st)
  {
    match st
    case Start(task, total) => WithExec(s, task, Exec(total, 0, Checking))
    case Check(task) =>
      WithExec(s, task, s.execs[task].(pc := if HasPending(s.dir, task) then Queueing else Sending))
    case Queue(task, now, ok) =>
      if ok then Spooled(s, task, now)
      else WithExec(s, task, s.execs[task].(pc := Sending)).(clock := now, dir := Trimmed(s.dir))
    case Post(task, outcome, verdict) =>
      var e := s.execs[task];
      WithExec(s, task, if outcome.Unreachable? then e.(pc := Storing) else e.Advanced())
      .(sent := s.sent + [Sent(task, e.next, verdict)])
    case Store(task, now, ok) =>
      if ok then Spooled(s, task, now)
      else WithExec(s, task, s.execs[task].Advanced()).(clock := now, dir := Trimmed(s.dir))
    case ReplayStart => s.(replayer := Replaying(Pending(s.dir)))
    case ReplayPost(outcome, verdict) =>
      var rest := s.replayer.rest;
      var b := s.dir[rest[0]];
      var s' := s.(sent := s.sent + [Sent(b.task, b.seqNo, verdict)]);
      if outcome.Unreachable? then s'.(replayer := Idle)
      else s'.(replayer := Replaying(rest[1..]), dir := s.dir - {rest[0]})
    case ReplayDrop => s.(replayer := Replaying(s.replayer.rest[1..]), dir := s.dir - {s.replayer.rest[0]})
    case ReplayStop => s.(replayer := Idle)
  }

  ghost predicate Runs(s: State, steps: seq<Step>)
    decreases |steps|
  {
    steps == [] || (Enabled(s, steps[0]) && Runs(Apply(s, steps[0]), steps[1..]))
  }

  ghost function After(s: State, steps: seq<Step>): State
    requires Runs(s, steps)
    decreases |steps|
  {
    if steps == [] then s else After(Apply(s, steps[0]), steps[1..])
  }

  // ---- the invariant ----

  /** Some attempt among the first n settled the batch: the gateway accepted it or declined it. */
  predicate Settled(sent: seq<Sent>, n: nat, task: string, k: nat) {
    exists i :: 0 <= i < n && i < |sent| && sent[i].task == task && sent[i].seqNo == k && !sent[i].verdict.Unheard?
  }

  /** Nothing is ever sent before every earlier batch of its task is settled. */
  predicate InOrder(sent: seq<Sent>) {
    forall i, k :: 0 <= i < |sent| && 0 <= k < sent[i].seqNo ==> Settled(sent, i, sent[i].task, k)
  }

  predicate OnDisk(dir: Directory, task: string, k: nat) {
    exists n :: n in dir && dir[n].task == task && dir[n].seqNo == k
  }

  predicate EntryOk(s: State, n: string)
    requires n in s.dir
  {
    var e := s.dir[n];
    && e.Nameable() && IsUuid(e.task) && n == e.FileName() && e.time <= s.clock
    && e.task in s.execs && e.seqNo < s.execs[e.task].next
  }

  predicate ExecOk(s: State, task: string)
    requires task in s.execs
  {
    var e := s.execs[task];
    && IsUuid(task) && e.next <= e.total <= Pow10(6)
    && (e.pc.Finished? || e.next < e.total)
    && AllAccounted(s, task, e.next)
  }

  predicate NoneOnDisk(dir: Directory, task: string) {
    forall n :: n in dir ==> dir[n].task != task
  }

  predicate Accounted(s: State, task: string, k: nat) {
    OnDisk(s.dir, task, k) || Settled(s.sent, |s.sent|, task, k)
  }

  predicate AllAccounted(s: State, task: string, n: nat) {
    forall k :: 0 <= k < n ==> Accounted(s, task, k)
  }

  /** Later batches of a task were spooled later. */
  predicate Monotone(dir: Directory) {
    forall m, n :: m in dir && n in dir && dir[m].task == dir[n].task && dir[m].seqNo < dir[n].seqNo ==>
      dir[m].time <= dir[n].time
  }

  /** A batch is on disk at most once. */
  predicate Unique(dir: Directory) {
    forall m, n :: m in dir && n in dir && dir[m].task == dir[n].task && dir[m].seqNo == dir[n].seqNo ==> m == n
  }

  predicate EntriesOk(s: State) {
    forall n :: n in s.dir ==> EntryOk(s, n)
  }

  predicate ExecsOk(s: State) {
    forall task :: task in s.execs ==> ExecOk(s, task)
  }

  /** While a replay runs nothing is spooled, so what it has left to send is all there is on disk. */
  ghost predicate ReplayOk(s: State) {
    s.replayer.Replaying? ==> Ascending(s.replayer.rest) && Elements(s.replayer.rest) == s.dir.Keys
  }

  /** Every batch an execution is past is settled or on disk, in order. */
  ghost predicate Invariant(s: State) {
    EntriesOk(s) && ExecsOk(s) && Monotone(s.dir) && Unique(s.dir) && ReplayOk(s)
  }

  // ---- losing a batch ----

  /** A batch of an execution that is past it, neither on disk nor ever heard. */
  predicate Lost(s: State, task: string, k: nat) {
    task in s.execs && k < s.execs[task].next && !Accounted(s, task, k)
  }

  predicate FileLost(s: State, s': State, n: string) {
    n in s.dir && n !in s'.dir && !Settled(s'.sent, |s'.sent|, s.dir[n].task, s.dir[n].seqNo)
  }

  /** The step drops an unheard batch: trimmed from a full spool, unreadable at a replay, or never written. */
  ghost predicate Loses(s: State, st: Step)
    requires Enabled(s, st)
  {
    || (exists n :: FileLost(s, Apply(s, st), n))
    || (st.Store? && !st.ok && !Settled(s.sent, |s.sent|, st.task, s.execs[st.task].next))
  }

  lemma TrimmedPart(dir: Directory)
    ensures Trimmed(dir).Keys <= dir.Keys && forall n :: n in Trimmed(dir) ==> Trimmed(dir)[n] == dir[n]
  {
  }

  lemma BelowCapKeepsAll(dir: Directory)
    requires |dir| < MAX_SPOOL_FILES
    ensures Trimmed(dir) == dir
  {
    AscendingLength(Pending(dir));
    assert |dir.Keys| == |dir|;
  }

  lemma MatchesOwnTask(s: State, n: string, task: string)
    requires n in s.dir && EntryOk(s, n) && IsUuid(task)
    ensures Contains(n, Needle(task)) <==> s.dir[n].task == task
  {
    NeedleMatchesTask(s.dir[n].time, s.dir[n].task, s.dir[n].seqNo, task);
  }

  /** The substring test over file names finds exactly the tasks with a batch on disk. */
  lemma PendingMeansOnDisk(s: State, task: string)
    requires EntriesOk(s) && IsUuid(task)
    ensures HasPending(s.dir, task) <==> !NoneOnDisk(s.dir, task)
  {
    forall n | n in s.dir ensures Contains(n, Needle(task)) <==> s.dir[n].task == task {
      MatchesOwnTask(s, n, task);
    }
  }

  lemma SettledGrows(sent: seq<Sent>, x: Sent, n: nat, task: string, k: nat)
    requires Settled(sent, n, task, k)
    ensures Settled(sent + [x], n, task, k)
    ensures n <= |sent| ==> Settled(sent + [x], |sent| + 1, task, k)
  {
    var i :| 0 <= i < n && i < |sent| && sent[i].task == task && sent[i].seqNo == k && !sent[i].verdict.Unheard?;
    assert (sent + [x])[i] == sent[i];
  }

  /** One more attempt, made when every earlier batch of its task is settled, keeps the order. */
  lemma SendKeepsOrder(sent: seq<Sent>, x: Sent)
    requires InOrder(sent)
    requires forall k :: 0 <= k < x.seqNo ==> Settled(sent, |sent|, x.task, k)
    ensures InOrder(sent + [x])
    ensures !x.verdict.Unheard? ==> Settled(sent + [x], |sent| + 1, x.task, x.seqNo)
  {
    var sent' := sent + [x];
    forall i, k | 0 <= i < |sent'| && 0 <= k < sent'[i].seqNo ensures Settled(sent', i, sent'[i].task, k) {
      SettledGrows(sent, x, i, sent'[i].task, k);
    }
    assert sent'[|sent|] == x;
  }

  lemma EarlierFile(s: State, m: string, n: string)
    requires m in s.dir && n in s.dir && EntryOk(s, m) && EntryOk(s, n)
    requires s.dir[m].task == s.dir[n].task && s.dir[m].seqNo < s.dir[n].seqNo && s.dir[m].time <= s.dir[n].time
    ensures LexLess(m, n) && m != n
  {
    var a, b := s.dir[m], s.dir[n];
    NameOrder(a.time, a.task, a.seqNo, b.time, b.task, b.seqNo);
    LexIrreflexive(m);
  }

  lemma FirstIsFirst(rest: seq<string>, n: string)
    requires Ascending(rest) && n in rest
    ensures !LexLess(n, rest[0])
  {
    LexIrreflexive(n);
    if LexLess(n, rest[0]) {
      HeadIsLeast(rest, n);
      LexAsymmetric(n, rest[0]);
    }
  }

  /** The first batch a replay sends has no earlier batch of its task behind it on disk. */
  lemma NothingEarlierOnDisk(s: State, k: nat)
    requires EntriesOk(s) && Monotone(s.dir) && ReplayOk(s)
    requires s.replayer.Replaying? && s.replayer.rest != [] && s.replayer.rest[0] in s.dir
    requires k < s.dir[s.replayer.rest[0]].seqNo
    ensures !OnDisk(s.dir, s.dir[s.replayer.rest[0]].task, k)
  {
    var first := s.replayer.rest[0];
    var task := s.dir[first].task;
    if OnDisk(s.dir, task, k) {
      var n :| n in s.dir && s.dir[n].task == task && s.dir[n].seqNo == k;
      assert EntryOk(s, n) && EntryOk(s, first);
      EarlierFile(s, n, first);
      assert n in Elements(s.replayer.rest);
      FirstIsFirst(s.replayer.rest, n);
    }
  }

  lemma ReplaySendsFirst(s: State)
    requires EntriesOk(s) && ExecsOk(s) && Monotone(s.dir) && ReplayOk(s)
    requires s.replayer.Replaying? && s.replayer.rest != [] && s.replayer.rest[0] in s.dir
    ensures
      var b := s.dir[s.replayer.rest[0]];
      forall k :: 0 <= k < b.seqNo ==> Settled(s.sent, |s.sent|, b.task, k)
  {
    var b := s.dir[s.replayer.rest[0]];
    assert EntryOk(s, s.replayer.rest[0]);
    assert ExecOk(s, b.task);
    forall k | 0 <= k < b.seqNo ensures Settled(s.sent, |s.sent|, b.task, k) {
      assert Accounted(s, b.task, k);
      NothingEarlierOnDisk(s, k);
    }
  }

  /** s' keeps what was sent, and every file it lost is settled. */
  predicate Follows(s: State, s': State) {
    && s.sent <= s'.sent && s.clock <= s'.clock
    && (forall n :: n in s.dir && n !in s'.dir ==>
          Settled(s'.sent, |s'.sent|, s.dir[n].task, s.dir[n].seqNo))
    && (forall n :: n in s.dir && n in s'.dir ==> s'.dir[n] == s.dir[n])
  }

  lemma AccountedKept(s: State, s': State, task: string, k: nat)
    requires Follows(s, s') && Accounted(s, task, k)
    ensures Accounted(s', task, k)
  {
    if OnDisk(s.dir, task, k) {
      var n :| n in s.dir && s.dir[n].task == task && s.dir[n].seqNo == k;
      assert n in s'.dir ==> s'.dir[n] == s.dir[n];
    } else {
      var i :| 0 <= i < |s.sent| && s.sent[i].task == task && s.sent[i].seqNo == k && !s.sent[i].verdict.Unheard?;
      assert s'.sent[i] == s.sent[i];
    }
  }

  /** An execution that has not moved, or has moved past a batch that is now accounted for. */
  lemma ExecKept(s: State, s': State, task: string)
    requires task in s.execs && ExecOk(s, task) && Follows(s, s') && task in s'.execs
    requires
      var e, e' := s.execs[task], s'.execs[task];
      && e'.total == e.total
      && (e'.next == e.next || (e'.next == e.next + 1 && Accounted(s', task, e.next)))
      && e'.next <= e'.total && (e'.pc.Finished? || e'.next < e'.total)
    ensures ExecOk(s', task)
  {
    forall k | 0 <= k < s'.execs[task].next ensures Accounted(s', task, k) {
      if k < s.execs[task].next {
        assert Accounted(s, task, k);
        AccountedKept(s, s', task, k);
      }
    }
  }

  lemma EntryKept(s: State, s': State, n: string)
    requires n in s.dir && EntryOk(s, n) && n in s'.dir && s'.dir[n] == s.dir[n] && s.clock <= s'.clock
    requires s.dir[n].task in s'.execs && s.execs[s.dir[n].task].next <= s'.execs[s.dir[n].task].next
    ensures EntryOk(s', n)
  {
  }

  lemma FreshFile(s: State, task: string, now: nat, n: string)
    requires task in s.execs && IsUuid(task) && s.execs[task].next < Pow10(6) && now < Pow10(20)
    requires n in s.dir && EntryOk(s, n)
    ensures n != Entry(now, task, s.execs[task].next).FileName()
  {
    var b := Entry(now, task, s.execs[task].next);
    if n == b.FileName() {
      NameInjective(s.dir[n].time, s.dir[n].task, s.dir[n].seqNo, b.time, b.task, b.seqNo);
    }
  }

  /** dir holds files that were there, and one for the batch an execution is at. */
  predicate Extends(s: State, dir: Directory, file: string, b: Entry) {
    && file in dir && dir[file] == b && b.task in s.execs && b.seqNo == s.execs[b.task].next && s.clock <= b.time
    && forall n :: n in dir && n != file ==> n in s.dir && dir[n] == s.dir[n]
  }

  lemma MonotoneStored(s: State, dir: Directory, file: string, b: Entry)
    requires Monotone(s.dir) && EntriesOk(s) && Extends(s, dir, file, b)
    ensures Monotone(dir)
  {
    forall m, n | m in dir && n in dir && dir[m].task == dir[n].task && dir[m].seqNo < dir[n].seqNo
      ensures dir[m].time <= dir[n].time
    {
      if m != file { assert EntryOk(s, m); }
      if n != file { assert EntryOk(s, n); }
    }
  }

  lemma UniqueStored(s: State, dir: Directory, file: string, b: Entry)
    requires Unique(s.dir) && EntriesOk(s) && Extends(s, dir, file, b)
    ensures Unique(dir)
  {
    forall m, n | m in dir && n in dir && dir[m].task == dir[n].task && dir[m].seqNo == dir[n].seqNo ensures m == n {
      if m != file { assert EntryOk(s, m); }
      if n != file { assert EntryOk(s, n); }
    }
  }

  /** Spooling a batch, where what is trimmed for it was heard. */
  lemma SpoolFollows(s: State, task: string, now: nat)
    requires EntriesOk(s) && task in s.execs && ExecOk(s, task) && !s.execs[task].pc.Finished?
    requires CanSpool(s, now) && s.execs[task].next < Pow10(6)
    requires forall n :: !FileLost(s, Spooled(s, task, now), n)
    ensures
      var s' := Spooled(s, task, now);
      var b := Entry(now, task, s.execs[task].next);
      && b.FileName() !in s.dir && s'.dir == Trimmed(s.dir)[b.FileName() := b]
      && Follows(s, s') && Accounted(s', task, b.seqNo) && EntryOk(s', b.FileName())
  {
    var s' := Spooled(s, task, now);
    var b := Entry(now, task, s.execs[task].next);
    TrimmedPart(s.dir);
    forall n | n in s.dir ensures n != b.FileName() {
      assert EntryOk(s, n);
      FreshFile(s, task, now, n);
    }
    forall n | n in s.dir && n !in s'.dir ensures Settled(s'.sent, |s'.sent|, s.dir[n].task, s.dir[n].seqNo) {
      assert !FileLost(s, s', n);
    }
    assert b.FileName() in s'.dir && s'.dir[b.FileName()] == b;
  }

  lemma SpoolKeepsInvariant(s: State, task: string, now: nat)
    requires Invariant(s) && task in s.execs && !s.execs[task].pc.Finished?
    requires CanSpool(s, now) && s.execs[task].next < Pow10(6)
    requires forall n :: !FileLost(s, Spooled(s, task, now), n)
    ensures Invariant(Spooled(s, task, now))
  {
    assert ExecOk(s, task);
    SpoolFollows(s, task, now);
    TrimmedPart(s.dir);
    StoredKeepsInvariant(s, Spooled(s, task, now), Trimmed(s.dir), task, now,
                         Entry(now, task, s.execs[task].next).FileName());
  }

  lemma StoredKeepsInvariant(s: State, s': State, dir: Directory, task: string, now: nat, file: string)
    requires Invariant(s) && s.replayer.Idle? && task in s.execs && !s.execs[task].pc.Finished? && s.clock <= now
    requires dir.Keys <= s.dir.Keys && forall n :: n in dir ==> dir[n] == s.dir[n]
    requires s' == s.(clock := now, execs := s.execs[task := s.execs[task].Advanced()],
                      dir := dir[file := Entry(now, task, s.execs[task].next)])
    requires file !in s.dir && Follows(s, s') && Accounted(s', task, s.execs[task].next) && EntryOk(s', file)
    ensures Invariant(s')
  {
    SpoolKeepsExecs(s, s', task);
    MonotoneStored(s, s'.dir, file, Entry(now, task, s.execs[task].next));
    UniqueStored(s, s'.dir, file, Entry(now, task, s.execs[task].next));
    SpoolKeepsEntries(s, s', file);
  }

  lemma SpoolKeepsEntries(s: State, s': State, file: string)
    requires EntriesOk(s) && Follows(s, s')
    requires s'.dir.Keys <= s.dir.Keys + {file} && file in s'.dir && EntryOk(s', file)
    requires forall u :: u in s.execs ==> u in s'.execs && s.execs[u].next <= s'.execs[u].next
    ensures EntriesOk(s')
  {
    forall n | n in s'.dir && n in s.dir ensures EntryOk(s', n) {
      assert EntryOk(s, n);
      EntryKept(s, s', n);
    }
  }

  lemma SpoolKeepsExecs(s: State, s': State, task: string)
    requires ExecsOk(s) && Follows(s, s') && task in s.execs && !s.execs[task].pc.Finished?
    requires s'.execs == s.execs[task := s.execs[task].Advanced()]
    requires Accounted(s', task, s.execs[task].next)
    ensures ExecsOk(s')
  {
    forall u | u in s'.execs ensures ExecOk(s', u) {
      assert ExecOk(s, u);
      ExecKept(s, s', u);
    }
  }

  lemma PostKeepsInvariant(s: State, task: string, outcome: Outcome, verdict: Verdict)
    requires Invariant(s) && Enabled(s, Post(task, outcome, verdict))
    ensures Invariant(Apply(s, Post(task, outcome, verdict)))
  {
    var x := Sent(task, s.execs[task].next, verdict);
    var s' := Apply(s, Post(task, outcome, verdict));
    assert s'.sent[|s.sent|] == x;
    assert Follows(s, s');
    forall n | n in s'.dir ensures EntryOk(s', n) { EntryKept(s, s', n); }
    forall u | u in s'.execs ensures ExecOk(s', u) {
      assert ExecOk(s, u);
      ExecKept(s, s', u);
    }
  }

  lemma FollowsUnlessLost(s: State, s': State)
    requires s.sent <= s'.sent && s.clock <= s'.clock && forall n :: !FileLost(s, s', n)
    requires forall n :: n in s.dir && n in s'.dir ==> s'.dir[n] == s.dir[n]
    ensures Follows(s, s')
  {
    forall n | n in s.dir && n !in s'.dir ensures Settled(s'.sent, |s'.sent|, s.dir[n].task, s.dir[n].seqNo) {
      assert !FileLost(s, s', n);
    }
  }

  lemma PartOk(dir: Directory, part: Directory)
    requires Monotone(dir) && Unique(dir) && forall n :: n in part ==> n in dir && part[n] == dir[n]
    ensures Monotone(part) && Unique(part)
  {
  }

  /** A write that fails: what was trimmed for it is gone all the same. */
  lemma FailedWriteKeepsInvariant(s: State, st: Step)
    requires Invariant(s) && Enabled(s, st) && !Loses(s, st) && ((st.Queue? && !st.ok) || (st.Store? && !st.ok))
    ensures Invariant(Apply(s, st))
  {
    var s' := Apply(s, st);
    TrimmedPart(s.dir);
    FollowsUnlessLost(s, s');
    PartOk(s.dir, s'.dir);
    EntriesKept(s, s');
    FailedWriteKeepsExecs(s, s', st.task);
  }

  lemma FailedWriteKeepsExecs(s: State, s': State, task: string)
    requires ExecsOk(s) && Follows(s, s') && task in s.execs && !s.execs[task].pc.Finished?
    requires || s'.execs == s.execs[task := s.execs[task].(pc := Sending)]
             || (s'.execs == s.execs[task := s.execs[task].Advanced()] && Accounted(s', task, s.execs[task].next))
    ensures ExecsOk(s')
  {
    forall u | u in s'.execs ensures ExecOk(s', u) {
      assert ExecOk(s, u);
      ExecKept(s, s', u);
    }
  }

  /** Steps that move no execution past a batch. */
  lemma ExecsKept(s: State, s': State)
    requires ExecsOk(s) && Follows(s, s') && s'.execs == s.execs
    ensures ExecsOk(s')
  {
    forall u | u in s'.execs ensures ExecOk(s', u) {
      assert ExecOk(s, u);
      ExecKept(s, s', u);
    }
  }

  lemma EntriesKept(s: State, s': State)
    requires EntriesOk(s) && s.clock <= s'.clock
    requires forall n :: n in s'.dir ==> n in s.dir && s'.dir[n] == s.dir[n]
    requires forall u :: u in s.execs ==> u in s'.execs && s.execs[u].next <= s'.execs[u].next
    ensures EntriesOk(s')
  {
    forall n | n in s'.dir ensures EntryOk(s', n) {
      assert EntryOk(s, n);
      EntryKept(s, s', n);
    }
  }

  lemma ReplayPostKeepsInvariant(s: State, outcome: Outcome, verdict: Verdict)
    requires Invariant(s) && Enabled(s, ReplayPost(outcome, verdict))
    ensures Invariant(Apply(s, ReplayPost(outcome, verdict)))
  {
    var b := s.dir[s.replayer.rest[0]];
    var s' := Apply(s, ReplayPost(outcome, verdict));
    assert s'.sent[|s.sent|] == Sent(b.task, b.seqNo, verdict);
    ReplayKeepsQueue(s, outcome, verdict);
    ExecsKept(s, s');
    EntriesKept(s, s');
  }

  lemma ReplayDropKeepsInvariant(s: State)
    requires Invariant(s) && Enabled(s, ReplayDrop) && !Loses(s, ReplayDrop)
    ensures Invariant(Apply(s, ReplayDrop))
  {
    var rest := s.replayer.rest;
    var s' := s.(replayer := Replaying(rest[1..]), dir := s.dir - {rest[0]});
    assert Apply(s, ReplayDrop) == s' && forall n :: !FileLost(s, Apply(s, ReplayDrop), n);
    DropKeepsQueue(s, s', rest);
    DropKeepsInvariant(s, s');
  }

  lemma DropKeepsQueue(s: State, s': State, rest: seq<string>)
    requires ReplayOk(s) && s.replayer == Replaying(rest) && rest != []
    requires s' == s.(replayer := Replaying(rest[1..]), dir := s.dir - {rest[0]})
    ensures ReplayOk(s')
  {
    TailElements(rest);
  }

  lemma DropKeepsInvariant(s: State, s': State)
    requires Invariant(s) && ReplayOk(s') && s'.execs == s.execs && s'.sent == s.sent && s'.clock == s.clock
    requires forall n :: n in s'.dir ==> n in s.dir && s'.dir[n] == s.dir[n]
    requires forall n :: !FileLost(s, s', n)
    ensures Invariant(s')
  {
    FollowsUnlessLost(s, s');
    PartOk(s.dir, s'.dir);
    ExecsKept(s, s');
    EntriesKept(s, s');
  }

  lemma ReplayKeepsQueue(s: State, outcome: Outcome, verdict: Verdict)
    requires ReplayOk(s) && Enabled(s, ReplayPost(outcome, verdict))
    requires
      var b := s.dir[s.replayer.rest[0]];
      !verdict.Unheard? ==> Settled(s.sent + [Sent(b.task, b.seqNo, verdict)], |s.sent| + 1, b.task, b.seqNo)
    ensures
      var s' := Apply(s, ReplayPost(outcome, verdict));
      ReplayOk(s') && Follows(s, s')
  {
    TailElements(s.replayer.rest);
  }

  lemma CheckKeepsInvariant(s: State, task: string)
    requires Invariant(s) && Enabled(s, Check(task))
    ensures Invariant(Apply(s, Check(task)))
  {
    var s' := Apply(s, Check(task));
    EntriesKept(s, s');
    forall u | u in s'.execs ensures ExecOk(s', u) {
      assert ExecOk(s, u);
      ExecKept(s, s', u);
    }
  }

  lemma StartKeepsInvariant(s: State, task: string, total: nat)
    requires Invariant(s) && Enabled(s, Start(task, total))
    ensures Invariant(Apply(s, Start(task, total)))
  {
    var s' := Apply(s, Start(task, total));
    EntriesKept(s, s');
    forall u | u in s'.execs ensures ExecOk(s', u) {
      if u != task {
        assert ExecOk(s, u);
        ExecKept(s, s', u);
      }
    }
  }

  lemma SpoolStepKeepsInvariant(s: State, st: Step)
    requires Invariant(s) && Enabled(s, st) && !Loses(s, st) && (st.Queue? || st.Store?) && st.ok
    ensures Invariant(Apply(s, st))
  {
    assert Apply(s, st) == Spooled(s, st.task, st.now);
    assert forall n :: !FileLost(s, Apply(s, st), n);
    SpoolKeepsInvariant(s, st.task, st.now);
  }

  lemma ReplayTurnKeepsInvariant(s: State, st: Step)
    requires Invariant(s) && Enabled(s, st) && (st.ReplayStart? || st.ReplayStop?)
    ensures Invariant(Apply(s, st))
  {
    ExecsKept(s, Apply(s, st));
    EntriesKept(s, Apply(s, st));
  }

  /** Whatever happens, as long as no unheard batch is dropped, each is settled or on disk. */
  lemma StepKeepsInvariant(s: State, st: Step)
    requires Invariant(s) && Enabled(s, st) && !Loses(s, st)
    ensures Invariant(Apply(s, st))
  {
    match st
    case Start(task, total) => StartKeepsInvariant(s, task, total);
    case Check(task) => CheckKeepsInvariant(s, task);
    case Queue(_, _, ok) => if ok { SpoolStepKeepsInvariant(s, st); } else { FailedWriteKeepsInvariant(s, st); }
    case Store(_, _, ok) => if ok { SpoolStepKeepsInvariant(s, st); } else { FailedWriteKeepsInvariant(s, st); }
    case Post(task, outcome, verdict) => PostKeepsInvariant(s, task, outcome, verdict);
    case ReplayPost(outcome, verdict) => ReplayPostKeepsInvariant(s, outcome, verdict);
    case ReplayDrop => ReplayDropKeepsInvariant(s);
    case _ => ReplayTurnKeepsInvariant(s, st);
  }

  // ---- overtaking ----

  predicate FilesSettled(s: State, task: string) {
    forall n :: n in s.dir && s.dir[n].task == task ==> Settled(s.sent, |s.sent|, task, s.dir[n].seqNo)
  }

  /** A batch posted past one of its task that is still on disk and unheard. */
  predicate PostsAhead(s: State, st: Step) { st.Post? && !FilesSettled(s, st.task) }

  lemma InOrderMore(sent: seq<Sent>, x: Sent)
    requires InOrder(sent)
    ensures InOrder(sent + [x]) <==> forall k :: 0 <= k < x.seqNo ==> Settled(sent, |sent|, x.task, k)
  {
    var sent' := sent + [x];
    if InOrder(sent') {
      forall k | 0 <= k < x.seqNo ensures Settled(sent, |sent|, x.task, k) {
        assert Settled(sent', |sent|, sent'[|sent|].task, k);
        var i :| 0 <= i < |sent| && sent'[i].task == x.task && sent'[i].seqNo == k && !sent'[i].verdict.Unheard?;
        assert sent[i] == sent'[i];
      }
    }
    if forall k :: 0 <= k < x.seqNo ==> Settled(sent, |sent|, x.task, k) { SendKeepsOrder(sent, x); }
  }

  lemma PostInOrderIff(s: State, task: string)
    requires Invariant(s) && task in s.execs
    ensures FilesSettled(s, task) <==> forall k :: 0 <= k < s.execs[task].next ==> Settled(s.sent, |s.sent|, task, k)
  {
    assert ExecOk(s, task);
    if FilesSettled(s, task) {
      forall k | 0 <= k < s.execs[task].next ensures Settled(s.sent, |s.sent|, task, k) { assert Accounted(s, task, k); }
    }
    if forall k :: 0 <= k < s.execs[task].next ==> Settled(s.sent, |s.sent|, task, k) {
      forall n | n in s.dir && s.dir[n].task == task ensures Settled(s.sent, |s.sent|, task, s.dir[n].seqNo) {
        assert EntryOk(s, n);
      }
    }
  }

  /** A step sends a batch before an earlier one of its task is settled exactly when it posts it past one on
      disk; replays never do. */
  lemma StepInOrderIff(s: State, st: Step)
    requires Invariant(s) && InOrder(s.sent) && Enabled(s, st)
    ensures InOrder(Apply(s, st).sent) <==> !PostsAhead(s, st)
  {
    if st.Post? {
      PostInOrderIff(s, st.task);
      InOrderMore(s.sent, Sent(st.task, s.execs[st.task].next, st.verdict));
    } else if st.ReplayPost? {
      var b := s.dir[s.replayer.rest[0]];
      ReplaySendsFirst(s);
      InOrderMore(s.sent, Sent(b.task, b.seqNo, st.verdict));
    }
  }

  ghost predicate Lossless(s: State, steps: seq<Step>)
    requires Runs(s, steps)
    decreases |steps|
  {
    steps == [] || (!Loses(s, steps[0]) && Lossless(Apply(s, steps[0]), steps[1..]))
  }

  ghost predicate NeverAhead(s: State, steps: seq<Step>)
    requires Runs(s, steps)
    decreases |steps|
  {
    steps == [] || (!PostsAhead(s, steps[0]) && NeverAhead(Apply(s, steps[0]), steps[1..]))
  }

  lemma {:induction false} SentGrows(s: State, steps: seq<Step>)
    requires Runs(s, steps)
    ensures s.sent <= After(s, steps).sent
    decreases |steps|
  {
    if steps != [] { SentGrows(Apply(s, steps[0]), steps[1..]); }
  }

  lemma InOrderPrefix(sent: seq<Sent>, longer: seq<Sent>)
    requires sent <= longer && InOrder(longer)
    ensures InOrder(sent)
  {
    forall i, k | 0 <= i < |sent| && 0 <= k < sent[i].seqNo ensures Settled(sent, i, sent[i].task, k) {
      assert longer[i] == sent[i];
      assert Settled(longer, i, longer[i].task, k);
      var j :| 0 <= j < i && j < |longer| && longer[j].task == longer[i].task && longer[j].seqNo == k
               && !longer[j].verdict.Unheard?;
      assert sent[j] == longer[j];
    }
  }

  /** Over every run that drops no unheard batch, whichever writes fail and however replays fall between:
      no batch overtakes an earlier one exactly when none is posted past a file of its task that has not
      been heard. */
  lemma {:induction false} InOrderExactly(s: State, steps: seq<Step>)
    requires Invariant(s) && InOrder(s.sent) && Runs(s, steps) && Lossless(s, steps)
    ensures Invariant(After(s, steps))
    ensures InOrder(After(s, steps).sent) <==> NeverAhead(s, steps)
    decreases |steps|
  {
    if steps != [] {
      var s' := Apply(s, steps[0]);
      StepKeepsInvariant(s, steps[0]);
      StepInOrderIff(s, steps[0]);
      if PostsAhead(s, steps[0]) {
        SentGrows(s', steps[1..]);
        if InOrder(After(s', steps[1..]).sent) { InOrderPrefix(s'.sent, After(s', steps[1..]).sent); }
        KeepsInvariant(s', steps[1..]);
      } else {
        InOrderExactly(s', steps[1..]);
      }
    }
  }

  lemma {:induction false} KeepsInvariant(s: State, steps: seq<Step>)
    requires Invariant(s) && Runs(s, steps) && Lossless(s, steps)
    ensures Invariant(After(s, steps))
    decreases |steps|
  {
    if steps != [] {
      StepKeepsInvariant(s, steps[0]);
      KeepsInvariant(Apply(s, steps[0]), steps[1..]);
    }
  }

  /** Where a write fails, the batch that is posted instead is in order exactly when every file of its task
      on disk has been heard after all. */
  lemma FailedWriteExactly(s: State, task: string, now: nat, outcome: Outcome, verdict: Verdict)
    requires Invariant(s) && InOrder(s.sent) && Enabled(s, Queue(task, now, false)) && Consistent(outcome, verdict)
    requires !Loses(s, Queue(task, now, false))
    ensures
      InOrder(Apply(Apply(s, Queue(task, now, false)), Post(task, outcome, verdict)).sent) <==> FilesSettled(s, task)
  {
    var s1 := Apply(s, Queue(task, now, false));
    FailedWriteKeepsInvariant(s, Queue(task, now, false));
    StepInOrderIff(s1, Post(task, outcome, verdict));
    TrimmedPart(s.dir);
    forall n | n in s.dir && n !in s1.dir ensures Settled(s.sent, |s.sent|, s.dir[n].task, s.dir[n].seqNo) {
      assert !FileLost(s, s1, n);
    }
  }

  // ---- runs without failures ----

  /** Spool writes succeed below the cap, and what was written can be read back. */
  predicate Clean(s: State, st: Step) {
    match st
    case Queue(_, _, ok) => ok && |s.dir| < MAX_SPOOL_FILES
    case Store(_, _, ok) => ok && |s.dir| < MAX_SPOOL_FILES
    case ReplayDrop => false
    case _ => true
  }

  ghost predicate CleanRun(s: State, steps: seq<Step>)
    requires Runs(s, steps)
    decreases |steps|
  {
    steps == [] || (Clean(s, steps[0]) && CleanRun(Apply(s, steps[0]), steps[1..]))
  }

  /** Who is sending has nothing on disk. */
  predicate Clear(s: State) {
    forall u :: u in s.execs && (s.execs[u].pc.Sending? || s.execs[u].pc.Storing?) ==> NoneOnDisk(s.dir, u)
  }

  ghost predicate Sound(s: State) { Invariant(s) && Clear(s) && InOrder(s.sent) }

  lemma NoFileLost(s: State, s': State)
    requires forall n :: n in s.dir && n !in s'.dir ==> Settled(s'.sent, |s'.sent|, s.dir[n].task, s.dir[n].seqNo)
    ensures forall n :: !FileLost(s, s', n)
  {
  }

  lemma ReplayPostLosesNothing(s: State, outcome: Outcome, verdict: Verdict)
    requires Enabled(s, ReplayPost(outcome, verdict))
    ensures !Loses(s, ReplayPost(outcome, verdict))
  {
    var s' := Apply(s, ReplayPost(outcome, verdict));
    var b := s.dir[s.replayer.rest[0]];
    assert s'.sent[|s.sent|] == Sent(b.task, b.seqNo, verdict);
    NoFileLost(s, s');
  }

  lemma CleanLosesNothing(s: State, st: Step)
    requires Enabled(s, st) && Clean(s, st)
    ensures !Loses(s, st)
  {
    if st.ReplayPost? {
      ReplayPostLosesNothing(s, st.outcome, st.verdict);
    } else {
      if st.Queue? || st.Store? { BelowCapKeepsAll(s.dir); }
      NoFileLost(s, Apply(s, st));
    }
  }

  /** Executions that were not sending do not start to, and no file is added for one that is. */
  lemma ClearKept(s: State, s': State)
    requires Clear(s)
    requires forall u :: u in s'.execs && (s'.execs[u].pc.Sending? || s'.execs[u].pc.Storing?) ==>
               || (u in s.execs && (s.execs[u].pc.Sending? || s.execs[u].pc.Storing?))
               || NoneOnDisk(s.dir, u)
    requires forall n :: n in s'.dir ==>
               || (n in s.dir && s'.dir[n] == s.dir[n])
               || (s'.dir[n].task in s'.execs && (s'.execs[s'.dir[n].task].pc.Checking? || s'.execs[s'.dir[n].task].pc.Finished?))
    ensures Clear(s')
  {
  }

  lemma CheckKeepsClear(s: State, task: string)
    requires Invariant(s) && Clear(s) && Enabled(s, Check(task))
    ensures Clear(Apply(s, Check(task)))
  {
    assert ExecOk(s, task);
    PendingMeansOnDisk(s, task);
    CheckedIsClear(s, task, if HasPending(s.dir, task) then Queueing else Sending);
  }

  lemma CheckedIsClear(s: State, task: string, pc: Pc)
    requires Clear(s) && task in s.execs && (pc.Queueing? || NoneOnDisk(s.dir, task))
    ensures Clear(WithExec(s, task, s.execs[task].(pc := pc)))
  {
  }

  lemma SpoolKeepsClear(s: State, task: string, now: nat)
    requires Clear(s) && task in s.execs && s.execs[task].next < Pow10(6) && now < Pow10(20)
    ensures Clear(Spooled(s, task, now))
  {
    TrimmedPart(s.dir);
    ClearKept(s, Spooled(s, task, now));
  }

  lemma OtherStepKeepsClear(s: State, st: Step)
    requires Clear(s) && Enabled(s, st) && !st.Check? && !st.Queue? && !st.Store?
    ensures Clear(Apply(s, st))
  {
    ClearKept(s, Apply(s, st));
  }

  lemma StepKeepsClear(s: State, st: Step)
    requires Invariant(s) && Clear(s) && Enabled(s, st) && Clean(s, st)
    ensures Clear(Apply(s, st))
  {
    match st
    case Check(task) => CheckKeepsClear(s, task);
    case Queue(task, now, _) => SpoolKeepsClear(s, task, now);
    case Store(task, now, _) => SpoolKeepsClear(s, task, now);
    case _ => OtherStepKeepsClear(s, st);
  }

  lemma StepKeepsSound(s: State, st: Step)
    requires Sound(s) && Enabled(s, st) && Clean(s, st)
    ensures Sound(Apply(s, st))
  {
    CleanLosesNothing(s, st);
    StepKeepsInvariant(s, st);
    CleanIsNotAhead(s, st);
    StepInOrderIff(s, st);
    StepKeepsClear(s, st);
  }

  lemma CleanIsNotAhead(s: State, st: Step)
    requires Clear(s) && Enabled(s, st)
    ensures !PostsAhead(s, st)
  {
  }

  /** In no interleaving of executions and replays is a batch sent, directly or from the spool, before
      every earlier batch of its task was accepted or declined by the gateway. */
  lemma {:induction false} NoOvertaking(s: State, steps: seq<Step>)
    requires Sound(s) && Runs(s, steps) && CleanRun(s, steps)
    ensures Sound(After(s, steps)) && InOrder(After(s, steps).sent)
    ensures Lossless(s, steps) && NeverAhead(s, steps)
    decreases |steps|
  {
    if steps != [] {
      StepKeepsSound(s, steps[0]);
      CleanLosesNothing(s, steps[0]);
      CleanIsNotAhead(s, steps[0]);
      NoOvertaking(Apply(s, steps[0]), steps[1..]);
    }
  }

  /** So a task closed by its final batch has had every earlier batch heard: none is left on disk to be
      refused later for a task that is already done. */
  lemma ClosedMeansAllHeard(steps: seq<Step>, i: nat, k: nat)
    requires Runs(INITIAL, steps) && CleanRun(INITIAL, steps)
    requires
      var sent := After(INITIAL, steps).sent;
      i < |sent| && sent[i].verdict.Accepted? && k < sent[i].seqNo
    ensures
      var sent := After(INITIAL, steps).sent;
      exists j :: 0 <= j < i && sent[j].task == sent[i].task && sent[j].seqNo == k && !sent[j].verdict.Unheard?
  {
    NoOvertaking(INITIAL, steps);
    var sent := After(INITIAL, steps).sent;
    assert Settled(sent, i, sent[i].task, k);
  }

  // ---- what is lost stays lost ----

  lemma SpoolingFileFrom(s: State, st: Step, m: string)
    requires Enabled(s, st) && (st.Queue? || st.Store?) && m in Apply(s, st).dir
    ensures
      var e := Apply(s, st).dir[m];
      (m in s.dir && s.dir[m] == e) || (e.task in s.execs && e.seqNo == s.execs[e.task].next)
  {
    TrimmedPart(s.dir);
  }

  /** A file was there before, or is of the batch an execution was at. */
  lemma FileFrom(s: State, st: Step, m: string)
    requires Enabled(s, st) && m in Apply(s, st).dir
    ensures
      var e := Apply(s, st).dir[m];
      (m in s.dir && s.dir[m] == e) || (e.task in s.execs && e.seqNo == s.execs[e.task].next)
  {
    if st.Queue? || st.Store? { SpoolingFileFrom(s, st, m); }
  }

  lemma SpoolingNextGrows(s: State, st: Step, task: string)
    requires Enabled(s, st) && (st.Queue? || st.Store?) && task in s.execs
    ensures task in Apply(s, st).execs && s.execs[task].next <= Apply(s, st).execs[task].next
  {
  }

  lemma NextGrows(s: State, st: Step, task: string)
    requires Enabled(s, st) && task in s.execs
    ensures task in Apply(s, st).execs && s.execs[task].next <= Apply(s, st).execs[task].next
  {
    if st.Queue? || st.Store? { SpoolingNextGrows(s, st, task); }
  }

  /** What a step sends is the batch an execution is at, or one on disk. */
  lemma SentFrom(s: State, st: Step, i: nat)
    requires Enabled(s, st) && |s.sent| <= i < |Apply(s, st).sent|
    ensures s.sent <= Apply(s, st).sent
    ensures
      var x := Apply(s, st).sent[i];
      (x.task in s.execs && x.seqNo == s.execs[x.task].next) || OnDisk(s.dir, x.task, x.seqNo)
  {
  }

  lemma LostStays(s: State, st: Step, task: string, k: nat)
    requires Enabled(s, st) && Lost(s, task, k)
    ensures Lost(Apply(s, st), task, k)
    ensures
      var s' := Apply(s, st);
      s.sent <= s'.sent && forall i :: |s.sent| <= i < |s'.sent| ==> s'.sent[i].task != task || s'.sent[i].seqNo != k
  {
    var s' := Apply(s, st);
    NextGrows(s, st, task);
    forall n | n in s'.dir ensures s'.dir[n].task != task || s'.dir[n].seqNo != k { FileFrom(s, st, n); }
    forall i | |s.sent| <= i < |s'.sent| ensures s'.sent[i].task != task || s'.sent[i].seqNo != k { SentFrom(s, st, i); }
    NotSettled(s.sent, s'.sent, task, k);
  }

  lemma NotSettled(sent: seq<Sent>, more: seq<Sent>, task: string, k: nat)
    requires sent <= more && !Settled(sent, |sent|, task, k)
    requires forall i :: |sent| <= i < |more| ==> more[i].task != task || more[i].seqNo != k
    ensures !Settled(more, |more|, task, k)
  {
    assert forall i :: 0 <= i < |sent| ==> more[i] == sent[i];
  }

  lemma {:induction false} LostForGood(s: State, steps: seq<Step>, task: string, k: nat)
    requires Runs(s, steps) && Lost(s, task, k)
    ensures
      var s' := After(s, steps);
      && Lost(s', task, k) && s.sent <= s'.sent
      && forall i :: |s.sent| <= i < |s'.sent| ==> s'.sent[i].task != task || s'.sent[i].seqNo != k
    decreases |steps|
  {
    if steps != [] {
      LostStays(s, steps[0], task, k);
      LostForGood(Apply(s, steps[0]), steps[1..], task, k);
    }
  }

  /** A batch that is lost is never sent again, so the order is gone as soon as any later batch of its task
      is, over any further run. */
  lemma LostIsOvertaken(s: State, steps: seq<Step>, task: string, k: nat, i: nat)
    requires Runs(s, steps) && Lost(s, task, k)
    requires
      var sent := After(s, steps).sent;
      |s.sent| <= i < |sent| && sent[i].task == task && sent[i].seqNo > k
    ensures !InOrder(After(s, steps).sent)
  {
    var s' := After(s, steps);
    LostForGood(s, steps, task, k);
    assert !Settled(s'.sent, i, s'.sent[i].task, k);
  }

  /** And a step that drops an unheard batch does lose one. */
  lemma LosesSome(s: State, st: Step) returns (task: string, k: nat)
    requires Invariant(s) && Enabled(s, st) && Loses(s, st)
    ensures Lost(Apply(s, st), task, k)
  {
    var s' := Apply(s, st);
    if n :| FileLost(s, s', n) {
      task, k := s.dir[n].task, s.dir[n].seqNo;
      LosesFile(s, st, n);
    } else {
      task, k := st.task, s.execs[st.task].next;
      TrimmedPart(s.dir);
      assert forall n :: n in s'.dir ==> n in s.dir && EntryOk(s, n) && s'.dir[n] == s.dir[n];
    }
  }

  lemma LosesFile(s: State, st: Step, n: string)
    requires Invariant(s) && Enabled(s, st) && FileLost(s, Apply(s, st), n)
    ensures Lost(Apply(s, st), s.dir[n].task, s.dir[n].seqNo)
  {
    var s', e := Apply(s, st), s.dir[n];
    assert EntryOk(s, n);
    NextGrows(s, st, e.task);
    forall m | m in s'.dir ensures s'.dir[m].task != e.task || s'.dir[m].seqNo != e.seqNo {
      FileFrom(s, st, m);
    }
  }

  // ---- runs with failures ----

  lemma {:induction false} InTwoParts(s: State, a: seq<Step>, b: seq<Step>)
    requires Runs(s, a) && Runs(After(s, a), b)
    ensures Runs(s, a + b) && After(s, a + b) == After(After(s, a), b)
    ensures CleanRun(s, a) && CleanRun(After(s, a), b) ==> CleanRun(s, a + b)
    decreases |a|
  {
    if a == [] {
      assert a + b == b;
    } else {
      assert (a + b)[0] == a[0] && (a + b)[1..] == a[1..] + b;
      InTwoParts(Apply(s, a[0]), a[1..], b);
    }
  }

  /** The first j batches of one task on disk, the first of them unheard and none of the others ever sent,
      with the next one about to be delivered. */
  predicate FilledTo(s: State, u: string, now: nat, total: nat, j: nat) {
    && s.replayer.Idle? && s.clock == now < Pow10(20) && |s.dir| == j
    && u in s.execs && s.execs[u] == Exec(total, j, Checking) && s.sent == [Sent(u, 0, Unheard)]
    && forall n :: n in s.dir ==> s.dir[n].task == u && s.dir[n].time == now
  }

  /** Then a batch of the task is found on disk. */
  lemma FilledIsPending(s: State, u: string, now: nat, total: nat, j: nat)
    requires FilledTo(s, u, now, total, j) && Invariant(s) && j > 0
    ensures HasPending(s.dir, u)
  {
    assert ExecOk(s, u);
    assert |s.dir.Keys| == |s.dir|;
    assert s.dir.Keys != {};
    PendingMeansOnDisk(s, u);
  }

  lemma StoresFirst(s: State, u: string, now: nat, k: nat, total: nat)
    requires IsUuid(u) && s.clock <= now < Pow10(20) && k == 0 && s.dir == map[] && s.replayer.Idle? && total > 1
    requires u in s.execs && s.execs[u] == Exec(total, k, Storing) && s.sent == [Sent(u, 0, Unheard)]
    ensures Enabled(s, Store(u, now, true)) && FilledTo(Apply(s, Store(u, now, true)), u, now, total, 1)
  {
    OneStored(s.dir, Entry(now, u, k));
  }

  lemma OneStored(dir: Directory, b: Entry)
    requires dir == map[] && b.Nameable() && IsUuid(b.task)
    ensures
      var dir' := Stored(dir, b);
      |dir'| == 1 && forall n :: n in dir' ==> dir'[n] == b
  {
    BelowCapKeepsAll(dir);
    assert Stored(dir, b) == map[b.FileName() := b];
  }

  lemma PostsFirst(s: State, u: string, total: nat)
    requires s.dir == map[] && s.sent == [] && u in s.execs && s.execs[u] == Exec(total, 0, Checking) && u != ""
    ensures
      var s1 := WithExec(s, u, Exec(total, 0, Sending));
      var s2 := WithExec(s1, u, Exec(total, 0, Storing)).(sent := [Sent(u, 0, Unheard)]);
      && Enabled(s, Check(u)) && Apply(s, Check(u)) == s1
      && Enabled(s1, Post(u, Unreachable, Unheard)) && Apply(s1, Post(u, Unreachable, Unheard)) == s2
  {
  }

  /** It comes to that when the gateway cannot be reached at first. */
  lemma DiskReached(u: string, now: nat, total: nat) returns (steps: seq<Step>)
    requires IsUuid(u) && now < Pow10(20) && 1 < total <= Pow10(6)
    ensures Runs(INITIAL, steps) && CleanRun(INITIAL, steps) && FilledTo(After(INITIAL, steps), u, now, total, 1)
    ensures Sound(After(INITIAL, steps))
  {
    var s0 := WithExec(INITIAL, u, Exec(total, 0, Checking));
    var s1 := WithExec(s0, u, Exec(total, 0, Sending));
    var s2 := WithExec(s1, u, Exec(total, 0, Storing)).(sent := [Sent(u, 0, Unheard)]);
    PostsFirst(s0, u, total);
    StoresFirst(s2, u, now, 0, total);
    steps := [];
    steps := Before(s2, Store(u, now, true), Apply(s2, Store(u, now, true)), steps);
    steps := Before(s1, Post(u, Unreachable, Unheard), s2, steps);
    steps := Before(s0, Check(u), s1, steps);
    steps := Before(INITIAL, Start(u, total), s0, steps);
    NoOvertaking(INITIAL, steps);
  }

  lemma Before(s: State, st: Step, s': State, rest: seq<Step>) returns (steps: seq<Step>)
    requires Enabled(s, st) && Apply(s, st) == s' && Runs(s', rest) && CleanRun(s', rest) && Clean(s, st)
    ensures steps == [st] + rest && Runs(s, steps) && CleanRun(s, steps) && After(s, steps) == After(s', rest)
  {
    steps := [st] + rest;
    assert steps[1..] == rest;
  }

  lemma Then(s: State, st: Step, s': State, rest: seq<Step>)
    requires Enabled(s, st) && Apply(s, st) == s' && Runs(s', rest)
    ensures Runs(s, [st] + rest) && After(s, [st] + rest) == After(s', rest)
  {
    assert ([st] + rest)[1..] == rest;
  }

  lemma WriteFails(s: State, u: string, now: nat, total: nat)
    requires FilledTo(s, u, now, total, 1) && Invariant(s) && total > 1
    ensures
      var s1 := WithExec(s, u, Exec(total, 1, Queueing));
      && Enabled(s, Check(u)) && Apply(s, Check(u)) == s1
      && Enabled(s1, Queue(u, now, false)) && Apply(s1, Queue(u, now, false)) == WithExec(s1, u, Exec(total, 1, Sending))
  {
    FilledIsPending(s, u, now, total, 1);
    BelowCapKeepsAll(s.dir);
    assert Pow10(6) == 10 * Pow10(5);
  }

  /** Where a spool write fails the promise is lost: a batch that should have queued behind an earlier
      one is posted instead, and the task closes with its observations still on disk. */
  lemma FailedWriteOvertakes(s: State, u: string, now: nat)
    requires FilledTo(s, u, now, 2, 1) && Invariant(s)
    ensures
      var steps := [Check(u)] + ([Queue(u, now, false)] + ([Post(u, Delivered, Accepted)] + []));
      && Runs(s, steps)
      && After(s, steps).sent == [Sent(u, 0, Unheard), Sent(u, 1, Accepted)]
      && After(s, steps).dir == s.dir && AtPc(After(s, steps), u, Finished)
      && !InOrder(After(s, steps).sent)
  {
    var s1 := WithExec(s, u, Exec(2, 1, Queueing));
    var s2 := WithExec(s1, u, Exec(2, 1, Sending));
    WriteFails(s, u, now, 2);
    var last := PostsSecond(s2, u);
    Then(s1, Queue(u, now, false), s2, last);
    Then(s, Check(u), s1, [Queue(u, now, false)] + last);
    OutOfOrder(u, After(s2, last).sent);
  }

  lemma PostsSecond(s: State, u: string) returns (steps: seq<Step>)
    requires u in s.execs && s.execs[u] == Exec(2, 1, Sending) && s.sent == [Sent(u, 0, Unheard)]
    ensures steps == [Post(u, Delivered, Accepted)] + [] && Runs(s, steps)
    ensures After(s, steps).sent == [Sent(u, 0, Unheard), Sent(u, 1, Accepted)]
    ensures After(s, steps).dir == s.dir && AtPc(After(s, steps), u, Finished)
  {
    var none: seq<Step> := [];
    steps := [Post(u, Delivered, Accepted)] + none;
    Then(s, Post(u, Delivered, Accepted), Apply(s, Post(u, Delivered, Accepted)), none);
  }

  lemma OutOfOrder(u: string, sent: seq<Sent>)
    requires sent == [Sent(u, 0, Unheard), Sent(u, 1, Accepted)]
    ensures !InOrder(sent)
  {
    assert sent[1].seqNo == 1 && !Settled(sent, 1, u, 0);
  }

  lemma OnlyFile(dir: Directory) returns (n: string)
    requires |dir| == 1
    ensures n in dir && Pending(dir) == [n] && dir - {n} == map[]
  {
    AscendingLength(Pending(dir));
    assert |dir.Keys| == |dir|;
    n := Pending(dir)[0];
    assert n in Elements(Pending(dir));
    assert Elements(Pending(dir)) == {n};
  }

  lemma DropsOnly(s: State, u: string, now: nat)
    requires FilledTo(s, u, now, 2, 1) && u != ""
    ensures
      var n := Pending(s.dir);
      var s1 := s.(replayer := Replaying(n));
      var s2 := s.(replayer := Replaying([]), dir := map[]);
      && Enabled(s, ReplayStart) && Apply(s, ReplayStart) == s1
      && Enabled(s1, ReplayDrop) && Apply(s1, ReplayDrop) == s2
      && Enabled(s2, Check(u)) && Apply(s2, Check(u)) == WithExec(s2, u, Exec(2, 1, Sending))
  {
    var n := OnlyFile(s.dir);
    assert [n][1..] == [];
  }

  /** A file that cannot be read is dropped by the replay, and the next batch goes out without it. */
  lemma UnreadableOvertakes(s: State, u: string, now: nat)
    requires FilledTo(s, u, now, 2, 1) && u != ""
    ensures
      var steps := [ReplayStart] + ([ReplayDrop] + ([Check(u)] + ([Post(u, Delivered, Accepted)] + [])));
      && Runs(s, steps)
      && After(s, steps).sent == [Sent(u, 0, Unheard), Sent(u, 1, Accepted)]
      && AtPc(After(s, steps), u, Finished) && !InOrder(After(s, steps).sent)
  {
    var s1 := s.(replayer := Replaying(Pending(s.dir)));
    var s2 := s.(replayer := Replaying([]), dir := map[]);
    var s3 := WithExec(s2, u, Exec(2, 1, Sending));
    DropsOnly(s, u, now);
    var last := PostsSecond(s3, u);
    Then(s2, Check(u), s3, last);
    Then(s1, ReplayDrop, s2, [Check(u)] + last);
    Then(s, ReplayStart, s1, [ReplayDrop] + ([Check(u)] + last));
    OutOfOrder(u, After(s3, last).sent);
  }

  // ---- a full spool ----

  /** With a batch of the task on disk the next one is to be queued. */
  lemma ToQueue(s: State, u: string, now: nat, total: nat, j: nat)
    requires FilledTo(s, u, now, total, j) && Invariant(s) && 0 < j < total <= Pow10(6)
    ensures
      var s1 := WithExec(s, u, Exec(total, j, Queueing));
      Enabled(s, Check(u)) && Apply(s, Check(u)) == s1 && Enabled(s1, Queue(u, now, true))
  {
    FilledIsPending(s, u, now, total, j);
  }

  lemma NewName(s: State, u: string, b: Entry)
    requires EntriesOk(s) && ExecsOk(s) && u in s.execs && b.Nameable() && b == Entry(b.time, u, s.execs[u].next)
    ensures b.FileName() !in s.dir
  {
    assert ExecOk(s, u);
    forall n | n in s.dir ensures n != b.FileName() {
      assert EntryOk(s, n);
      FreshFile(s, u, b.time, n);
    }
  }

  lemma OneMoreStored(dir: Directory, b: Entry)
    requires b.Nameable() && b.FileName() !in dir && |dir| < MAX_SPOOL_FILES
    ensures
      var dir' := Stored(dir, b);
      |dir'| == |dir| + 1 && forall n :: n in dir' ==> dir'[n] == b || (n in dir && dir'[n] == dir[n])
  {
    BelowCapKeepsAll(dir);
    assert Stored(dir, b).Keys == dir.Keys + {b.FileName()};
  }

  lemma SpooledIs(s: State, u: string, now: nat, b: Entry)
    requires u in s.execs && s.execs[u].next < Pow10(6) && now < Pow10(20) && b == Entry(now, u, s.execs[u].next)
    ensures b.Nameable() && Spooled(s, u, now) == WithExec(s, u, s.execs[u].Advanced()).(clock := now, dir := Stored(s.dir, b))
  {
  }

  lemma FilledMore(s: State, s1: State, s2: State, u: string, now: nat, total: nat, j: nat, dir: Directory)
    requires FilledTo(s, u, now, total, j) && j + 1 < total && s1 == WithExec(s, u, Exec(total, j, Queueing))
    requires s2 == WithExec(s1, u, Exec(total, j + 1, Checking)).(clock := now, dir := dir) && |dir| == j + 1
    requires forall n :: n in dir ==> dir[n] == Entry(now, u, j) || (n in s.dir && dir[n] == s.dir[n])
    ensures FilledTo(s2, u, now, total, j + 1)
  {
  }

  lemma FillNext(s: State, s1: State, u: string, now: nat, total: nat, j: nat, b: Entry)
    requires FilledTo(s, u, now, total, j) && EntriesOk(s) && ExecsOk(s) && j < MAX_SPOOL_FILES && j + 1 < total
    requires s1 == WithExec(s, u, Exec(total, j, Queueing)) && j < Pow10(6) && b == Entry(now, u, j)
    ensures FilledTo(Spooled(s1, u, now), u, now, total, j + 1)
  {
    SpooledIs(s1, u, now, b);
    NewName(s, u, b);
    OneMoreStored(s.dir, b);
    FilledMore(s, s1, Spooled(s1, u, now), u, now, total, j, Stored(s.dir, b));
  }

  lemma {:induction false} Fill(s: State, u: string, now: nat, total: nat, j: nat, m: nat) returns (steps: seq<Step>)
    requires FilledTo(s, u, now, total, j) && Sound(s) && 0 < j <= m <= MAX_SPOOL_FILES && m < total <= Pow10(6)
    ensures Runs(s, steps) && CleanRun(s, steps) && FilledTo(After(s, steps), u, now, total, m)
    decreases m - j
  {
    steps := [];
    if j < m {
      var s1 := WithExec(s, u, Exec(total, j, Queueing));
      ToQueue(s, u, now, total, j);
      StepKeepsSound(s, Check(u));
      var s2 := Spooled(s1, u, now);
      FillNext(s, s1, u, now, total, j, Entry(now, u, j));
      StepKeepsSound(s1, Queue(u, now, true));
      steps := Fill(s2, u, now, total, j + 1, m);
      steps := Before(s1, Queue(u, now, true), s2, steps);
      steps := Before(s, Check(u), s1, steps);
    }
  }

  /** A gateway away for long enough fills the spool, without any failure. */
  lemma FullReached(u: string, now: nat, total: nat) returns (steps: seq<Step>)
    requires IsUuid(u) && now < Pow10(20) && MAX_SPOOL_FILES < total <= Pow10(6)
    ensures Runs(INITIAL, steps) && CleanRun(INITIAL, steps)
    ensures FilledTo(After(INITIAL, steps), u, now, total, MAX_SPOOL_FILES) && Sound(After(INITIAL, steps))
  {
    var first := DiskReached(u, now, total);
    var s := After(INITIAL, first);
    var more := Fill(s, u, now, total, 1, MAX_SPOOL_FILES);
    InTwoParts(INITIAL, first, more);
    steps := first + more;
    NoOvertaking(INITIAL, steps);
  }

  /** The first file of a full spool goes when one more is written. */
  lemma FirstIsTrimmed(s: State) returns (n: string)
    requires |s.dir| == MAX_SPOOL_FILES
    ensures n in s.dir && Trimmed(s.dir) == s.dir - {n}
    ensures forall m :: m in s.dir && m != n ==> LexLess(n, m)
  {
    var names := Pending(s.dir);
    AscendingLength(names);
    assert |s.dir.Keys| == |s.dir|;
    n := names[0];
    FirstOf(s.dir, names);
    TrimmedOne(s.dir, names, |names|);
  }

  lemma TrimmedOne(dir: Directory, names: seq<string>, max: nat)
    requires names == Pending(dir) && |names| == max == MAX_SPOOL_FILES
    ensures Trimmed(dir) == dir - Elements(names[..1])
  {
  }

  lemma FirstOf(dir: Directory, names: seq<string>)
    requires names == Pending(dir) && names != []
    ensures names[0] in dir && Elements(names[..1]) == {names[0]}
    ensures forall m :: m in dir && m != names[0] ==> LexLess(names[0], m)
  {
    assert names[0] in Elements(names);
    forall m | m in dir && m != names[0] ensures LexLess(names[0], m) {
      assert m in Elements(names);
      HeadIsLeast(names, m);
    }
  }

  /** Files of one task written at one time stand in the order of their batches. */
  lemma EarlierBatch(s: State, m: string, n: string)
    requires m in s.dir && n in s.dir && EntryOk(s, m) && EntryOk(s, n) && LexLess(m, n)
    requires s.dir[m].task == s.dir[n].task && s.dir[m].time == s.dir[n].time
    ensures s.dir[m].seqNo < s.dir[n].seqNo
  {
    var a, b := s.dir[m], s.dir[n];
    NameOrder(a.time, a.task, a.seqNo, b.time, b.task, b.seqNo);
    LexIrreflexive(a.task);
  }

  /** Writing one more batch to a full spool loses the first one. */
  lemma FullLoses(s: State, u: string, now: nat, total: nat) returns (k: nat)
    requires FilledTo(s, u, now, total, MAX_SPOOL_FILES) && Invariant(s) && MAX_SPOOL_FILES < total <= Pow10(6)
    ensures
      var s1 := WithExec(s, u, Exec(total, MAX_SPOOL_FILES, Queueing));
      && Enabled(s1, Queue(u, now, true)) && Lost(Apply(s1, Queue(u, now, true)), u, k)
      && forall m :: m in Apply(s1, Queue(u, now, true)).dir ==> Apply(s1, Queue(u, now, true)).dir[m].task == u
                                                                 && Apply(s1, Queue(u, now, true)).dir[m].seqNo > k
  {
    var s1 := WithExec(s, u, Exec(total, MAX_SPOOL_FILES, Queueing));
    var b := Entry(now, u, MAX_SPOOL_FILES);
    ToQueue(s, u, now, total, MAX_SPOOL_FILES);
    CheckKeepsInvariant(s, u);
    NewName(s, u, b);
    SpooledIs(s1, u, now, b);
    var n := FirstIsTrimmed(s);
    k := s.dir[n].seqNo;
    RestIsLater(s, n, b, u, now);
    FirstIsLost(s, Apply(s1, Queue(u, now, true)), n, u);
  }

  lemma FirstIsLost(s: State, s': State, n: string, u: string)
    requires EntriesOk(s) && n in s.dir && s.dir[n].task == u && s'.sent == [Sent(u, 0, Unheard)]
    requires u in s.execs && u in s'.execs && s.execs[u].next <= s'.execs[u].next
    requires forall m :: m in s'.dir ==> s'.dir[m].seqNo > s.dir[n].seqNo
    ensures Lost(s', u, s.dir[n].seqNo)
  {
    assert EntryOk(s, n);
  }

  lemma RestIsLater(s: State, n: string, b: Entry, u: string, now: nat)
    requires EntriesOk(s) && n in s.dir && Trimmed(s.dir) == s.dir - {n} && b.Nameable()
    requires forall m :: m in s.dir && m != n ==> LexLess(n, m)
    requires forall m :: m in s.dir ==> s.dir[m].task == u && s.dir[m].time == now
    requires b.task == u && u in s.execs && b.seqNo == s.execs[u].next
    ensures forall m :: m in Stored(s.dir, b) ==> Stored(s.dir, b)[m].task == u && Stored(s.dir, b)[m].seqNo > s.dir[n].seqNo
  {
    var dir := Stored(s.dir, b);
    assert EntryOk(s, n);
    forall m | m in dir ensures dir[m].task == u && dir[m].seqNo > s.dir[n].seqNo {
      if dir[m] != b {
        assert m in s.dir && m != n && EntryOk(s, m);
        EarlierBatch(s, n, m);
      }
    }
  }

  lemma ReplaysFirst(s: State, u: string, k: nat)
    requires s.replayer.Idle? && s.dir != map[] && forall m :: m in s.dir ==> s.dir[m].task == u && s.dir[m].seqNo > k
    ensures
      var s1 := s.(replayer := Replaying(Pending(s.dir)));
      && Enabled(s, ReplayStart) && Apply(s, ReplayStart) == s1 && Enabled(s1, ReplayPost(Delivered, Accepted))
      && var sent := Apply(s1, ReplayPost(Delivered, Accepted)).sent;
         |sent| == |s.sent| + 1 && sent[|s.sent|].task == u && sent[|s.sent|].seqNo > k
  {
    var m :| m in s.dir;
    assert m in Elements(Pending(s.dir));
    assert Pending(s.dir)[0] in Elements(Pending(s.dir));
  }

  /** So an outage long enough to fill the spool loses batches although nothing failed, and the replay that
      follows delivers later ones without them. */
  lemma FullSpoolOvertakes(s: State, u: string, now: nat, total: nat)
    requires FilledTo(s, u, now, total, MAX_SPOOL_FILES) && Invariant(s) && MAX_SPOOL_FILES < total <= Pow10(6)
    ensures
      var steps := [Check(u)] + ([Queue(u, now, true)] + ([ReplayStart] + ([ReplayPost(Delivered, Accepted)] + [])));
      Runs(s, steps) && !InOrder(After(s, steps).sent)
  {
    var none: seq<Step> := [];
    var s1 := WithExec(s, u, Exec(total, MAX_SPOOL_FILES, Queueing));
    ToQueue(s, u, now, total, MAX_SPOOL_FILES);
    var k := FullLoses(s, u, now, total);
    var s2 := Apply(s1, Queue(u, now, true));
    assert Entry(now, u, MAX_SPOOL_FILES).FileName() in s2.dir;
    ReplaysFirst(s2, u, k);
    var s3 := s2.(replayer := Replaying(Pending(s2.dir)));
    var s4 := Apply(s3, ReplayPost(Delivered, Accepted));
    Then(s3, ReplayPost(Delivered, Accepted), s4, none);
    Then(s2, ReplayStart, s3, [ReplayPost(Delivered, Accepted)] + none);
    LostIsOvertaken(s2, [ReplayStart] + ([ReplayPost(Delivered, Accepted)] + none), u, k, |s2.sent|);
    Then(s1, Queue(u, now, true), s2, [ReplayStart] + ([ReplayPost(Delivered, Accepted)] + none));
    Then(s, Check(u), s1, [Queue(u, now, true)] + ([ReplayStart] + ([ReplayPost(Delivered, Accepted)] + none)));
  }
}
